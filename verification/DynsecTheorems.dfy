/**
 Running a plan: it is never refused, never leaves a dangling reference, ends in the state the
 desired document describes, and what is read back then passes the comparison exactly when the
 desired document repeats nothing, disables no client the plan creates and does not clear the group
 of the anonymous clients.
 */
module DynsecTheorems {
  import opened Strings
  import opened Rules
  import opened DynsecModel
  import opened DynsecPlan
  import opened DynsecDatabase
  import opened DynsecObjects
  import opened DynsecPhases
  import opened DynsecVerify

  // ---------------------------------------------------------------- building up

  /* The desired roles, groups, clients and memberships are there; the others are untouched. */
  ghost predicate BuiltUp(before: Database, desired: Document, after: Database) {
    && after.roles.Keys == before.roles.Keys + NameSet(RoleNames(desired.roles))
    && (forall r :: r in desired.roles ==> r.name in after.roles && (DistinctKeys(r.acls) ==> after.roles[r.name] == PlannedRole(HeldByRole(before, r.name), r)))
    && after.groups.Keys == before.groups.Keys + NameSet(GroupNames(desired.groups))
    && (forall g :: g in desired.groups ==> g.name in after.groups && after.groups[g.name] == PlannedGroup(HeldByGroup(before, g.name), g))
    && after.clients.Keys == before.clients.Keys + NameSet(ClientNames(desired.clients))
    && (forall c :: c in desired.clients ==> c.name in after.clients && after.clients[c.name] == SettledClient(before, c))
    && (forall g :: g in desired.groups ==> MembersOf(after, g.name) == Names(g.clients))
    && after.defaults == before.defaults && after.anonymous == before.anonymous
  }

  /* What validation says of the names and references of a document. */
  lemma ValidNamesAndRefs(doc: Document)
    requires ValidDocument(doc)
    ensures Distinct(RoleNames(doc.roles)) && Distinct(GroupNames(doc.groups)) && Distinct(ClientNames(doc.clients))
    ensures forall g :: g in doc.groups ==> Names(g.roles) <= NameSet(RoleNames(doc.roles))
    ensures forall g :: g in doc.groups ==> Names(g.clients) <= NameSet(ClientNames(doc.clients))
    ensures forall c :: c in doc.clients ==> Names(c.roles) <= NameSet(RoleNames(doc.roles))
    ensures doc.anonymous == "" || doc.anonymous in NameSet(GroupNames(doc.groups))
    ensures forall r :: r in doc.roles ==> ValidEntries(r.acls)
  {
    hide ValidObjectName, ValidEntries, Names;
  }

  /* What a sound database says of the references of a document that represents it. */
  lemma RepresentedRefs(doc: Document, db: Database)
    requires Sound(db) && Represents(doc, db)
    ensures forall g :: g in doc.groups ==> Names(g.roles) <= db.roles.Keys
    ensures forall c :: c in doc.clients ==> Names(c.roles) <= db.roles.Keys
    ensures forall name :: name !in db.groups ==> MembersOf(db, name) == {}
  {
    hide RolesMatch;
    forall g | g in doc.groups ensures Names(g.roles) <= db.roles.Keys {
      assert GroupMatches(g, db);
      assert db.groups[g.name].roles.Keys == Names(g.roles);
    }
    forall c | c in doc.clients ensures Names(c.roles) <= db.roles.Keys {
      assert ClientHeld(c, db);
      assert db.clients[c.name].roles.Keys == Names(c.roles);
    }
  }

  /* Matching does not depend on the parts of a database it does not mention. */
  lemma MatchesCarryOver(doc: Document, a: Database, b: Database)
    requires b.groups == a.groups && b.clients == a.clients && b.members == a.members
    ensures GroupsMatch(doc.groups, a) ==> GroupsMatch(doc.groups, b)
    ensures forall name :: MembersOf(b, name) == MembersOf(a, name)
    ensures forall name :: HeldByGroup(b, name) == HeldByGroup(a, name)
  {
    hide Names, DistinctRefs;
    forall g ensures GroupMatches(g, a) ==> GroupMatches(g, b) {}
  }

  lemma RoleStage(before: Database, current: Document, desired: Document) returns (db1: Database)
    requires Sound(before) && Represents(current, before) && ValidDocument(desired)
    ensures db1 == Run(before, RolePhase(current.roles, desired.roles))
    ensures AllSafe(before, RolePhase(current.roles, desired.roles))
    ensures RolesReached(before, desired.roles, db1)
  {
    hide Run, AllSafe, RolePhase, RolesReached, RolesMatch, GroupsMatch, ClientsMatch, ValidDocument;
    ValidNamesAndRefs(desired);
    RolesRun(before, current.roles, desired.roles);
    db1 := Run(before, RolePhase(current.roles, desired.roles));
  }

  lemma GroupStage(before: Database, current: Document, desired: Document, db1: Database) returns (db2: Database)
    requires Sound(before) && Represents(current, before) && ValidDocument(desired)
    requires RolesReached(before, desired.roles, db1)
    ensures db2 == Run(db1, GroupPhase(current.groups, desired.groups))
    ensures AllSafe(db1, GroupPhase(current.groups, desired.groups))
    ensures GroupsReached(db1, desired.groups, db2)
  {
    hide Run, AllSafe, GroupPhase, GroupsReached, RolesMatch, GroupsMatch, ClientsMatch, ValidDocument,
         Names, MembersOf, RoleOf, PlannedRole, HeldByRole, DistinctKeys, HeldByGroup;
    ValidNamesAndRefs(desired);
    RepresentedRefs(current, before);
    MatchesCarryOver(current, before, db1);
    GroupsRun(db1, current.groups, desired.groups);
    db2 := Run(db1, GroupPhase(current.groups, desired.groups));
  }

  lemma ClientStage(before: Database, current: Document, desired: Document, db1: Database, db2: Database)
    returns (db3: Database)
    requires Sound(before) && Represents(current, before) && ValidDocument(desired)
    requires RolesReached(before, desired.roles, db1) && GroupsReached(db1, desired.groups, db2)
    ensures db3 == Run(db2, ClientPhase(current.clients, desired.clients))
    ensures AllSafe(db2, ClientPhase(current.clients, desired.clients))
    ensures db3 == db2.(clients := db3.clients)
    ensures db3.clients.Keys == before.clients.Keys + NameSet(ClientNames(desired.clients))
    ensures forall c :: c in desired.clients ==> c.name in db3.clients && db3.clients[c.name] == SettledClient(before, c)
  {
    hide Run, AllSafe, ClientPhase, RolesMatch, GroupsMatch, ClientsHeld, ValidDocument,
         Names, MembersOf, RoleOf, PlannedRole, HeldByRole, DistinctKeys, HeldByGroup, PlannedGroup;
    ValidNamesAndRefs(desired);
    RepresentedRefs(current, before);
    ClientsRunAnyMembers(before, db2, current.clients, desired.clients);
    db3 := Run(db2, ClientPhase(current.clients, desired.clients));
  }

  /* The client phase does not look at memberships: it runs alike from any of them. */
  lemma ClientsRunAnyMembers(before: Database, db: Database, current: seq<Client>, clients: seq<Client>)
    requires ClientsHeld(current, before) && db.clients == before.clients && before.roles.Keys <= db.roles.Keys
    requires Distinct(ClientNames(clients))
    requires forall c :: c in current || c in clients ==> Names(c.roles) <= db.roles.Keys
    ensures AllSafe(db, ClientPhase(current, clients))
    ensures var after := Run(db, ClientPhase(current, clients));
            && after == db.(clients := after.clients)
            && after.clients.Keys == before.clients.Keys + NameSet(ClientNames(clients))
            && forall c :: c in clients ==> c.name in after.clients && after.clients[c.name] == SettledClient(before, c)
  {
    hide Run, AllSafe, ClientPhase, Names, PlannedClient, DistinctRefs;
    forall c | c in current ensures ClientHeld(c, db) {
      assert ClientHeld(c, before);
    }
    ClientsRun(db, current, clients);
  }

  lemma FindsExactly(doc: Document, db: Database, name: string)
    requires GroupsMatch(doc.groups, db)
    ensures FindGroup(doc.groups, name).Some? <==> name in db.groups
  {
    hide GroupMatches;
    var found := FindGroup(doc.groups, name);
    if found.Some? {
      assert GroupMatches(found.value, db);
      GroupNamesSnoc(doc.groups, found.value);
    } else {
      assert name !in NameSet(GroupNames(doc.groups));
    }
  }

  lemma MemberStage(before: Database, current: Document, desired: Document, db1: Database, db2: Database, db3: Database)
    returns (db4: Database)
    requires Represents(current, before) && ValidDocument(desired)
    requires db1.groups == before.groups && GroupsReached(db1, desired.groups, db2)
    requires db3 == db2.(clients := db3.clients)
    ensures var phase := MemberPhase(current.groups, desired.groups, NameSet(GoneClients(current, desired)));
            AllSafe(db3, phase) && db4 == Run(db3, phase)
    ensures MembersReached(db3, desired.groups, db4)
  {
    hide Run, AllSafe, MemberPhase, RolesMatch, GroupsMatch, ClientsMatch, ValidDocument, GoneClients,
         Names, MembersOf, RoleOf, PlannedRole, HeldByRole, DistinctKeys, HeldByGroup, PlannedGroup, FindGroup, NameSet;
    ValidNamesAndRefs(desired);
    var gone := NameSet(GoneClients(current, desired));
    forall g | g in desired.groups
      ensures MembersOf(db3, g.name) == if FindGroup(current.groups, g.name).Some? then Names(g.clients) else {}
    {
      FindsExactly(current, before, g.name);
      SameMembers(db2, db3, g.name);
    }
    MembersRun(db3, current.groups, desired.groups, gone);
    db4 := Run(db3, MemberPhase(current.groups, desired.groups, gone));
  }

  lemma BuildUpParts(current: Document, desired: Document)
    ensures BuildUp(current, desired)
         == RolePhase(current.roles, desired.roles) + GroupPhase(current.groups, desired.groups)
            + ClientPhase(current.clients, desired.clients)
            + MemberPhase(current.groups, desired.groups, NameSet(GoneClients(current, desired)))
  {
  }

  /* The parts of a plan, run one after the other. */
  lemma RunFour(db: Database, a: seq<Command>, b: seq<Command>, c: seq<Command>, d: seq<Command>,
                db1: Database, db2: Database, db3: Database, db4: Database)
    requires AllSafe(db, a) && db1 == Run(db, a)
    requires AllSafe(db1, b) && db2 == Run(db1, b)
    requires AllSafe(db2, c) && db3 == Run(db2, c)
    requires AllSafe(db3, d) && db4 == Run(db3, d)
    ensures AllSafe(db, a + b + c + d) && Run(db, a + b + c + d) == db4
  {
    hide Run, AllSafe;
    RunConcat(db, a, b);
    RunConcat(db, a + b, c);
    RunConcat(db, a + b + c, d);
  }

  lemma BuildUpRun(before: Database, current: Document, desired: Document)
    requires Sound(before) && Represents(current, before) && ValidDocument(desired)
    ensures AllSafe(before, BuildUp(current, desired))
    ensures BuiltUp(before, desired, Run(before, BuildUp(current, desired)))
  {
    hide Run, AllSafe, Sound, Represents, ValidDocument, RolePhase, GroupPhase, ClientPhase, MemberPhase, BuildUp, BuiltUp,
         RolesReached, GroupsReached, MembersReached, SettledClient, GoneClients;
    var db1 := RoleStage(before, current, desired);
    var db2 := GroupStage(before, current, desired, db1);
    var db3 := ClientStage(before, current, desired, db1, db2);
    RolesReachedFrame(before, desired, db1);
    var db4 := MemberStage(before, current, desired, db1, db2, db3);
    BuildUpParts(current, desired);
    RunFour(before, RolePhase(current.roles, desired.roles), GroupPhase(current.groups, desired.groups),
            ClientPhase(current.clients, desired.clients),
            MemberPhase(current.groups, desired.groups, NameSet(GoneClients(current, desired))),
            db1, db2, db3, db4);
    AllBuiltUp(before, desired, db1, db2, db3, db4);
  }

  lemma RolesReachedFrame(before: Database, desired: Document, db1: Database)
    requires RolesReached(before, desired.roles, db1)
    ensures db1.groups == before.groups
  {
    hide RoleOf, PlannedRole, HeldByRole, DistinctKeys;
  }

  lemma AllBuiltUp(before: Database, desired: Document, db1: Database, db2: Database, db3: Database, db4: Database)
    requires RolesReached(before, desired.roles, db1)
    requires GroupsReached(db1, desired.groups, db2)
    requires db3 == db2.(clients := db3.clients)
    requires db3.clients.Keys == before.clients.Keys + NameSet(ClientNames(desired.clients))
    requires forall c :: c in desired.clients ==> c.name in db3.clients && db3.clients[c.name] == SettledClient(before, c)
    requires MembersReached(db3, desired.groups, db4)
    ensures BuiltUp(before, desired, db4)
  {
    hide RoleOf, PlannedRole, HeldByRole, DistinctKeys, PlannedGroup, SettledClient, MembersOf, Names, NameSet, ClientNames, GroupNames, RoleNames;
  }

  // ---------------------------------------------------------------- cleaning up

  /* The state a plan ends in. Nothing is left but what the desired document names. */
  ghost predicate Reached(before: Database, desired: Document, after: Database) {
    && after.roles.Keys == NameSet(RoleNames(desired.roles))
    && (forall r :: r in desired.roles ==> r.name in after.roles && (DistinctKeys(r.acls) ==> after.roles[r.name] == PlannedRole(HeldByRole(before, r.name), r)))
    && after.groups.Keys == NameSet(GroupNames(desired.groups))
    && (forall g :: g in desired.groups ==> g.name in after.groups && after.groups[g.name] == PlannedGroup(HeldByGroup(before, g.name), g))
    && after.clients.Keys == NameSet(ClientNames(desired.clients))
    && (forall c :: c in desired.clients ==> c.name in after.clients && after.clients[c.name] == SettledClient(before, c))
    && (forall g :: g in desired.groups ==> MembersOf(after, g.name) == Names(g.clients))
    && (forall pair :: pair in after.members ==> pair.0 in after.groups)
    && after.defaults == desired.defaults && after.anonymous == SettledAnonymous(before, desired)
  }

  /* The group of the anonymous clients once the plan is through: it is cleared only by deleting it. */
  function SettledAnonymous(before: Database, desired: Document): string {
    if desired.anonymous != "" then desired.anonymous
    else if before.anonymous in NameSet(GroupNames(desired.groups)) then before.anonymous
    else ""
  }

  lemma GoneNames(current: seq<string>, desired: seq<string>)
    ensures NameSet(Gone(current, desired)) == NameSet(current) - NameSet(desired)
  {
    hide Gone;
  }

  /* The three rounds of deletions and what they leave of the database. */
  function CleanedUp(db: Database, clients: set<string>, groups: set<string>, roles: set<string>): Database {
    var left := WithoutGroups(WithoutClients(db, clients), groups);
    left.(roles := left.roles - roles)
  }

  function Cleaned(before: Database, desired: Document, db: Database): Database {
    CleanedUp(db, before.clients.Keys - NameSet(ClientNames(desired.clients)),
              before.groups.Keys - NameSet(GroupNames(desired.groups)),
              before.roles.Keys - NameSet(RoleNames(desired.roles)))
  }

  lemma HeldOnlyDesired(before: Database, desired: Document, db: Database, goneGroups: set<string>, goneClients: set<string>, role: string)
    requires BuiltUp(before, desired, db) && ValidDocument(desired)
    requires goneGroups == before.groups.Keys - NameSet(GroupNames(desired.groups))
    requires goneClients == before.clients.Keys - NameSet(ClientNames(desired.clients))
    requires role !in NameSet(RoleNames(desired.roles))
    ensures Unreferenced(WithoutGroups(WithoutClients(db, goneClients), goneGroups), role)
  {
    hide ValidDocument, Names, NameSet, RoleOf, PlannedRole, HeldByRole, DistinctKeys, MembersOf, PutRefs, RoleNames, GroupNames, ClientNames,
         PlannedGroup, SettledClient;
    ValidNamesAndRefs(desired);
    var left := WithoutGroups(WithoutClients(db, goneClients), goneGroups);
    forall name | name in left.groups ensures role !in left.groups[name].roles {
      var g := GroupNamed(desired.groups, name);
      PlannedRoles(before, g);
    }
    forall name | name in left.clients ensures role !in left.clients[name].roles {
      var c := ClientNamed(desired.clients, name);
      SettledRoles(before, c);
    }
  }

  lemma GroupNamed(groups: seq<Group>, name: string) returns (group: Group)
    requires name in NameSet(GroupNames(groups))
    ensures group in groups && group.name == name
  {
    var i :| 0 <= i < |groups| && GroupNames(groups)[i] == name;
    group := groups[i];
  }

  lemma ClientNamed(clients: seq<Client>, name: string) returns (client: Client)
    requires name in NameSet(ClientNames(clients))
    ensures client in clients && client.name == name
  {
    var i :| 0 <= i < |clients| && ClientNames(clients)[i] == name;
    client := clients[i];
  }

  lemma MergedKeys(held: Held, refs: seq<Ref>)
    ensures Merged(held, refs).Keys == Names(refs)
  {
  }

  lemma PlannedRoles(before: Database, group: Group)
    ensures PlannedGroup(HeldByGroup(before, group.name), group).roles.Keys == Names(group.roles)
  {
    MergedKeys(HeldByGroup(before, group.name).roles, group.roles);
  }

  lemma SettledRoles(before: Database, client: Client)
    ensures SettledClient(before, client).roles.Keys == Names(client.roles)
  {
    if client.name in before.clients {
      MergedKeys(before.clients[client.name].roles, client.roles);
    }
  }

  lemma CleanUpRun(before: Database, current: Document, desired: Document, db: Database)
    requires Represents(current, before) && ValidDocument(desired) && BuiltUp(before, desired, db)
    ensures AllSafe(db, CleanUp(current, desired))
    ensures Run(db, CleanUp(current, desired)) == Cleaned(before, desired, db)
  {
    hide Run, AllSafe, ValidDocument, Deletions, Gone, Distinct, Unreferenced, Names, PlannedGroup, SettledClient,
         RoleOf, PlannedRole, HeldByRole, DistinctKeys, MembersOf, GroupMatches, ClientHeld;
    var clients, groups, roles := GoneClients(current, desired), GoneGroups(current, desired), GoneRoles(current, desired);
    GoneNames(ClientNames(current.clients), ClientNames(desired.clients));
    GoneNames(GroupNames(current.groups), GroupNames(desired.groups));
    GoneNames(RoleNames(current.roles), RoleNames(desired.roles));
    GoneDistinct(ClientNames(current.clients), ClientNames(desired.clients));
    GoneDistinct(GroupNames(current.groups), GroupNames(desired.groups));
    GoneDistinct(RoleNames(current.roles), RoleNames(desired.roles));
    DeleteClientsRun(db, clients);
    var db5 := WithoutClients(db, NameSet(clients));
    DeleteGroupsRun(db5, groups);
    var db6 := WithoutGroups(db5, NameSet(groups));
    forall role | role in roles ensures Unreferenced(db6, role) {
      assert role in NameSet(roles);
      HeldOnlyDesired(before, desired, db, NameSet(groups), NameSet(clients), role);
    }
    DeleteRolesRun(db6, roles);
    RunConcat(db, Deletions(ClientObject, clients), Deletions(GroupObject, groups));
    RunConcat(db, Deletions(ClientObject, clients) + Deletions(GroupObject, groups), Deletions(RoleObject, roles));
  }

  // ---------------------------------------------------------------- settings

  lemma SettingsRun(current: Document, desired: Document, db: Database)
    requires db.defaults == current.defaults
    requires db.anonymous == current.anonymous || (db.anonymous == "" && current.anonymous != desired.anonymous)
    requires desired.anonymous == "" || desired.anonymous in db.groups
    ensures AllSafe(db, Settings(current, desired))
    ensures Run(db, Settings(current, desired))
         == db.(defaults := desired.defaults, anonymous := Put(db.anonymous, Field(desired.anonymous)))
  {
    hide Run, AllSafe;
    var defaults := if current.defaults != desired.defaults then [SetDefaultAccess(desired.defaults)] else [];
    var anonymous := if current.anonymous != desired.anonymous then [SetAnonymousGroup(desired.anonymous)] else [];
    RunNothing(db);
    RunOne(db, SetDefaultAccess(desired.defaults));
    var middle := db.(defaults := desired.defaults);
    assert Run(db, defaults) == middle && AllSafe(db, defaults);
    RunNothing(middle);
    RunOne(middle, SetAnonymousGroup(desired.anonymous));
    RunConcat(db, defaults, anonymous);
    assert Settings(current, desired) == defaults + anonymous;
  }

  // ---------------------------------------------------------------- the whole plan

  /* Every object of a document is among its names. */
  lemma Named(doc: Document)
    ensures forall r :: r in doc.roles ==> r.name in NameSet(RoleNames(doc.roles))
    ensures forall g :: g in doc.groups ==> g.name in NameSet(GroupNames(doc.groups))
    ensures forall c :: c in doc.clients ==> c.name in NameSet(ClientNames(doc.clients))
  {
    hide RoleNames, GroupNames, ClientNames;
    forall r | r in doc.roles ensures r.name in NameSet(RoleNames(doc.roles)) { RoleNamesSnoc(doc.roles, r); }
    forall g | g in doc.groups ensures g.name in NameSet(GroupNames(doc.groups)) { GroupNamesSnoc(doc.groups, g); }
    forall c | c in doc.clients ensures c.name in NameSet(ClientNames(doc.clients)) { ClientNamesSnoc(doc.clients, c); }
  }

  lemma OnlyDesired<T>(held: map<string, T>, before: set<string>, desired: set<string>)
    requires held.Keys == before + desired
    ensures (held - (before - desired)).Keys == desired
  {
  }

  /* What the deletions leave of the roles, the groups and the clients. */
  lemma CleanedObjects(before: Database, desired: Document, db: Database)
    requires BuiltUp(before, desired, db)
    ensures var left := Cleaned(before, desired, db);
            && left.roles.Keys == NameSet(RoleNames(desired.roles))
            && (forall r :: r in desired.roles ==> r.name in left.roles && left.roles[r.name] == db.roles[r.name])
            && left.groups.Keys == NameSet(GroupNames(desired.groups))
            && (forall g :: g in desired.groups ==> g.name in left.groups && left.groups[g.name] == db.groups[g.name])
            && left.clients.Keys == NameSet(ClientNames(desired.clients))
            && (forall c :: c in desired.clients ==> c.name in left.clients && left.clients[c.name] == db.clients[c.name])
  {
    hide RoleOf, PlannedRole, HeldByRole, DistinctKeys, PlannedGroup, SettledClient, MembersOf, Names, NameSet,
         RoleNames, GroupNames, ClientNames, HeldByGroup;
    Named(desired);
    OnlyDesired(db.roles, before.roles.Keys, NameSet(RoleNames(desired.roles)));
    OnlyDesired(db.groups, before.groups.Keys, NameSet(GroupNames(desired.groups)));
    OnlyDesired(db.clients, before.clients.Keys, NameSet(ClientNames(desired.clients)));
  }

  lemma CleanedMembers(before: Database, desired: Document, db: Database, after: Database)
    requires ValidDocument(desired) && BuiltUp(before, desired, db)
    requires after.members == Cleaned(before, desired, db).members
    ensures forall g :: g in desired.groups ==> MembersOf(after, g.name) == Names(g.clients)
  {
    hide ValidDocument, RoleOf, PlannedRole, HeldByRole, DistinctKeys, PlannedGroup, SettledClient, MembersOf, Names, NameSet,
         RoleNames, GroupNames, ClientNames, HeldByGroup, Cleaned;
    forall g | g in desired.groups ensures MembersOf(after, g.name) == Names(g.clients) {
      KeptMembers(before, desired, db, g);
      SameMembers(Cleaned(before, desired, db), after, g.name);
    }
  }

  lemma CleanedUpReaches(before: Database, desired: Document, db: Database, after: Database)
    requires ValidDocument(desired) && BuiltUp(before, desired, db)
    requires after == Cleaned(before, desired, db).(defaults := desired.defaults, anonymous := SettledAnonymous(before, desired))
    requires forall pair :: pair in after.members ==> pair.0 in after.groups
    ensures Reached(before, desired, after)
  {
    hide ValidDocument, RoleOf, PlannedRole, HeldByRole, DistinctKeys, PlannedGroup, SettledClient, MembersOf, Names, NameSet,
         RoleNames, GroupNames, ClientNames, HeldByGroup, Cleaned;
    CleanedObjects(before, desired, db);
    CleanedMembers(before, desired, db, after);
  }

  /* What the settings start from: the group of the anonymous clients may have been deleted. */
  lemma CleanedSettings(before: Database, current: Document, desired: Document, db: Database)
    requires Sound(before) && Represents(current, before) && ValidDocument(desired) && BuiltUp(before, desired, db)
    ensures var left := Cleaned(before, desired, db);
            && left.defaults == current.defaults
            && (left.anonymous == current.anonymous || (left.anonymous == "" && current.anonymous != desired.anonymous))
            && (desired.anonymous == "" || desired.anonymous in left.groups)
            && Put(left.anonymous, Field(desired.anonymous)) == SettledAnonymous(before, desired)
  {
    hide ValidDocument, RoleOf, PlannedRole, HeldByRole, DistinctKeys, PlannedGroup, SettledClient, MembersOf, Names, NameSet,
         RoleNames, GroupNames, ClientNames, HeldByGroup, RolesMatch, GroupsMatch, ClientsMatch, Distinct;
    ValidNamesAndRefs(desired);
    OnlyDesired(db.groups, before.groups.Keys, NameSet(GroupNames(desired.groups)));
  }

  /* The deletions take no client out of a desired group. */
  lemma KeptMembers(before: Database, desired: Document, db: Database, group: Group)
    requires ValidDocument(desired) && group in desired.groups && MembersOf(db, group.name) == Names(group.clients)
    ensures MembersOf(Cleaned(before, desired, db), group.name) == MembersOf(db, group.name)
  {
    hide ValidDocument, NameSet, ClientNames, GroupNames, RoleNames, Names;
    ValidNamesAndRefs(desired);
    GroupNamesSnoc(desired.groups, group);
    var left := Cleaned(before, desired, db);
    forall user ensures user in MembersOf(left, group.name) <==> user in MembersOf(db, group.name) {
      MemberIff(left, group.name, user);
      MemberIff(db, group.name, user);
    }
  }

  /* From any database, and any document read from it, a plan for a valid document is refused
     nowhere, deletes no role still referred to, and ends in the state the document describes. */
  lemma PlanReaches(before: Database, current: Document, desired: Document)
    requires Sound(before) && Represents(current, before) && ValidDocument(desired)
    ensures AllSafe(before, PlanCommands(current, desired))
    ensures Reached(before, desired, Run(before, PlanCommands(current, desired)))
  {
    hide Run, AllSafe, Sound, ValidDocument, BuildUp, CleanUp, Settings, BuiltUp, Reached,
         RolesMatch, GroupsMatch, ClientsMatch, Cleaned;
    BuildUpRun(before, current, desired);
    var built := Run(before, BuildUp(current, desired));
    CleanUpRun(before, current, desired, built);
    var cleaned := Run(built, CleanUp(current, desired));
    RunKeepsSound(before, BuildUp(current, desired));
    RunKeepsSound(built, CleanUp(current, desired));
    SoundMembers(cleaned);
    CleanedSettings(before, current, desired, built);
    CleanedUpReaches(before, desired, built,
                     cleaned.(defaults := desired.defaults, anonymous := SettledAnonymous(before, desired)));
    SettingsRun(current, desired, cleaned);
    RunConcat(before, BuildUp(current, desired), CleanUp(current, desired));
    RunConcat(before, BuildUp(current, desired) + CleanUp(current, desired), Settings(current, desired));
  }

  lemma SoundMembers(db: Database)
    requires Sound(db)
    ensures forall pair :: pair in db.members ==> pair.0 in db.groups
  {
  }

  /* In every intermediate state every role held, every group with members and the anonymous
     group exist, and the next command finds what it names. */
  lemma PlanSafeThroughout(before: Database, current: Document, desired: Document, i: nat)
    requires Sound(before) && Represents(current, before) && ValidDocument(desired)
    requires i <= |PlanCommands(current, desired)|
    ensures Sound(Run(before, PlanCommands(current, desired)[..i]))
    ensures i < |PlanCommands(current, desired)| ==>
              Safe(Run(before, PlanCommands(current, desired)[..i]), PlanCommands(current, desired)[i])
  {
    hide Run, AllSafe, Sound, Safe, ValidDocument, Represents, PlanCommands, Reached;
    var plan := PlanCommands(current, desired);
    PlanReaches(before, current, desired);
    RunKeepsSound(before, plan[..i]);
    if i < |plan| {
      SafeThroughout(before, plan, i);
    }
  }

  // ---------------------------------------------------------------- reading back

  /* No reference and no access entry is listed twice. */
  predicate NoRepeats(doc: Document) {
    && (forall r :: r in doc.roles ==> DistinctKeys(r.acls))
    && (forall g :: g in doc.groups ==> DistinctRefs(g.roles) && DistinctRefs(g.clients))
    && (forall c :: c in doc.clients ==> DistinctRefs(c.roles))
  }

  /* No client is both new and disabled. */
  predicate NoneBornDisabled(before: Database, doc: Document) {
    forall c :: c in doc.clients && c.disabled ==> c.name in before.clients
  }

  lemma ClientVerified(before: Database, desired: Document, after: Database, found: Client, client: Client)
    requires Reached(before, desired, after) && Normalised(desired) && client in desired.clients
    requires ClientHeld(found, after) && found.name == client.name
    requires Names(found.groups) == GroupsOf(after, found.name)
    ensures ClientAgrees(found, client)
       <==> DistinctRefs(client.roles) && (client.disabled ==> client.name in before.clients)
  {
    hide DistinctRefs, MembersOf, RoleOf, PlannedRole, HeldByRole, DistinctKeys, PlannedGroup, Merged, PutRefs, GroupsOf, GroupsListing;
    SettledRoles(before, client);
    assert after.clients[client.name].roles.Keys == Names(client.roles);
    assert after.clients[client.name].roles.Keys == Names(found.roles);
    GroupsOfListed(before, desired, after, client.name);
  }

  /* The two views of the memberships agree once the plan is through. */
  lemma GroupsOfListed(before: Database, desired: Document, after: Database, client: string)
    requires Reached(before, desired, after)
    ensures GroupsOf(after, client) == GroupsListing(desired.groups, client)
  {
    hide RoleOf, PlannedRole, HeldByRole, DistinctKeys, PlannedGroup, SettledClient, Names, MembersOf, RoleNames, ClientNames, HeldByGroup;
    forall name | name in GroupsOf(after, client) ensures name in GroupsListing(desired.groups, client) {
      assert (name, client) in after.members;
      var g := GroupNamed(desired.groups, name);
      MemberIff(after, name, client);
    }
    forall name | name in GroupsListing(desired.groups, client) ensures name in GroupsOf(after, client) {
      var g :| g in desired.groups && client in Names(g.clients) && g.name == name;
      MemberIff(after, name, client);
      assert (name, client).1 == client && (name, client).0 == name;
    }
  }

  lemma GroupVerified(before: Database, desired: Document, after: Database, found: Group, group: Group)
    requires Reached(before, desired, after) && group in desired.groups
    requires GroupMatches(found, after) && found.name == group.name
    ensures GroupAgrees(found, group) <==> DistinctRefs(group.roles) && DistinctRefs(group.clients)
  {
    hide DistinctRefs, MembersOf, RoleOf, PlannedRole, HeldByRole, DistinctKeys, Merged, PutRefs, SettledClient, NameSet;
    PlannedRoles(before, group);
    assert after.groups[group.name].roles.Keys == Names(group.roles);
    assert after.groups[group.name].roles.Keys == Names(found.roles);
  }

  lemma KindHasNoNul(kind: string)
    requires kind in ACL_TYPES
    ensures '\0' !in kind
  {
    var i :| 0 <= i < |ACL_TYPES| && ACL_TYPES[i] == kind;
    assert i in {0, 1, 2, 3, 4, 5};
  }

  /* The string the plugin's entries are compared by identifies the type and the topic. */
  lemma AclKeyInjective(a: ACL, b: ACL)
    requires a.kind in ACL_TYPES && b.kind in ACL_TYPES
    ensures AclKey(a) == AclKey(b) <==> Key(a) == Key(b)
  {
    KindHasNoNul(a.kind);
    KindHasNoNul(b.kind);
    CutAtNul(a.kind, a.topic, b.kind, b.topic);
  }

  lemma CutAtNul(a: string, x: string, b: string, y: string)
    requires '\0' !in a && '\0' !in b
    ensures a + "\0" + x == b + "\0" + y <==> a == b && x == y
  {
    if a + "\0" + x == b + "\0" + y {
      CutAt(a, x, b, y, '\0');
    }
  }

  lemma {:induction false} ByKeyOf(entries: seq<ACL>, entry: ACL)
    requires DistinctKeys(entries) && entry in entries
    requires forall e :: e in entries ==> e.kind in ACL_TYPES
    ensures AclKey(entry) in ByKey(entries) && ByKey(entries)[AclKey(entry)] == entry
  {
    hide AclKey;
    var n := |entries| - 1;
    if entry != entries[n] {
      var i :| 0 <= i < |entries| && entries[i] == entry;
      assert entries[..n][i] == entry;
      ByKeyOf(entries[..n], entry);
      assert Key(entries[i]) != Key(entries[n]);
      AclKeyInjective(entry, entries[n]);
    }
  }

  /* Lists that fill the same map are compared as equal, unless the wanted one repeats a key. */
  lemma EntriesVerified(found: seq<ACL>, wanted: seq<ACL>)
    requires DistinctKeys(found) && PutEntries(map[], found) == PutEntries(map[], wanted)
    requires forall e :: e in wanted ==> e.kind in ACL_TYPES
    requires DistinctKeys(wanted)
    ensures SameEntries(found, wanted)
  {
    hide AclKey, PutEntries, ByKey;
    forall e | e in found ensures e in wanted { SameEntryIn(found, wanted, e); }
    forall e | e in wanted ensures e in found { SameEntryIn(wanted, found, e); }
    forall i, j | 0 <= i < j < |wanted| ensures AclKey(wanted[i]) != AclKey(wanted[j]) {
      AclKeyInjective(wanted[i], wanted[j]);
    }
    forall e | e in wanted ensures ByKey(found)[AclKey(e)].allow == e.allow {
      ByKeyOf(found, e);
    }
  }

  lemma SameEntryIn(a: seq<ACL>, b: seq<ACL>, entry: ACL)
    requires DistinctKeys(a) && DistinctKeys(b) && PutEntries(map[], a) == PutEntries(map[], b)
    requires entry in a
    ensures entry in b
  {
    hide PutEntries;
    PutEntriesOf(map[], a, entry);
    PutEntriesAt(map[], b, Key(entry));
    var other :| other in b && Key(other) == Key(entry);
    PutEntriesOf(map[], b, other);
    assert other == entry;
  }

  lemma RepeatedKey(entries: seq<ACL>)
    requires !DistinctKeys(entries)
    ensures !DistinctAclKeys(entries)
  {
    var i, j :| 0 <= i < j < |entries| && Key(entries[i]) == Key(entries[j]);
    assert AclKey(entries[i]) == AclKey(entries[j]);
  }

  lemma RoleVerified(after: Database, found: Role, role: Role)
    requires ValidEntries(role.acls) && DistinctKeys(found.acls)
    requires DistinctKeys(role.acls) ==> PutEntries(map[], found.acls) == PutEntries(map[], role.acls)
    ensures RoleAgrees(found, role) <==> DistinctKeys(role.acls)
  {
    hide PutEntries, AclKey, DistinctKeys, ValidTopicFilter;
    if DistinctKeys(role.acls) {
      forall e | e in role.acls ensures e.kind in ACL_TYPES {
        var i :| 0 <= i < |role.acls| && role.acls[i] == e;
        assert ValidEntry(role.acls[i]);
      }
      EntriesVerified(found.acls, role.acls);
    } else {
      RepeatedKey(role.acls);
    }
  }

  /* What a document read back holds under the name of a desired object. */
  lemma ReadBack(actual: Document, after: Database)
    requires Represents(actual, after)
    ensures NameSet(ClientNames(actual.clients)) == after.clients.Keys
    ensures NameSet(GroupNames(actual.groups)) == after.groups.Keys
    ensures NameSet(RoleNames(actual.roles)) == after.roles.Keys
  {
    hide GroupMatches, ClientHeld, RoleOf, PlannedRole, HeldByRole;
  }

  lemma ClientsVerified(before: Database, desired: Document, after: Database, actual: Document)
    requires ValidDocument(desired) && Normalised(desired) && Reached(before, desired, after) && Represents(actual, after)
    ensures ClientsAgree(desired.clients, actual.clients)
       <==> NoneBornDisabled(before, desired) && forall c :: c in desired.clients ==> DistinctRefs(c.roles)
  {
    hide ValidDocument, Reached, DistinctRefs, ClientAgrees, ClientHeld, GroupsMatch, RolesMatch, Distinct, NameSet, GroupsOf,
         ClientsByName, Names, ClientNames, Normalised;
    ValidNamesAndRefs(desired);
    ReadBack(actual, after);
    ReachedNames(before, desired, after);
    Named(desired);
    forall c | c in desired.clients
      ensures ClientAgrees(ClientsByName(actual.clients)[c.name], c)
         <==> DistinctRefs(c.roles) && (c.disabled ==> c.name in before.clients)
    {
      ClientVerified(before, desired, after, ClientsByName(actual.clients)[c.name], c);
    }
  }

  lemma ReachedNames(before: Database, desired: Document, after: Database)
    requires Reached(before, desired, after)
    ensures after.clients.Keys == NameSet(ClientNames(desired.clients))
    ensures after.groups.Keys == NameSet(GroupNames(desired.groups))
    ensures after.roles.Keys == NameSet(RoleNames(desired.roles))
  {
  }

  lemma GroupsVerified(before: Database, desired: Document, after: Database, actual: Document)
    requires ValidDocument(desired) && Reached(before, desired, after) && Represents(actual, after)
    ensures GroupsAgree(desired.groups, actual.groups)
       <==> forall g :: g in desired.groups ==> DistinctRefs(g.roles) && DistinctRefs(g.clients)
  {
    hide ValidDocument, Reached, DistinctRefs, GroupAgrees, GroupMatches, RolesMatch, ClientsMatch, Distinct, NameSet,
         GroupsByName, Names, GroupNames;
    ValidNamesAndRefs(desired);
    ReadBack(actual, after);
    ReachedNames(before, desired, after);
    Named(desired);
    forall g | g in desired.groups
      ensures GroupAgrees(GroupsByName(actual.groups)[g.name], g) <==> DistinctRefs(g.roles) && DistinctRefs(g.clients)
    {
      GroupVerified(before, desired, after, GroupsByName(actual.groups)[g.name], g);
    }
  }

  /* A role as it is read back after the plan. */
  lemma RoleReadBack(before: Database, desired: Document, after: Database, found: Role, role: Role)
    requires Reached(before, desired, after) && role in desired.roles && DistinctKeys(role.acls)
    requires found.name == role.name && found.name in after.roles && after.roles[found.name] == RoleOf(found)
    ensures found.texts == PutTexts(HeldByRole(before, role.name), role.texts)
    ensures PutEntries(map[], found.acls) == PutEntries(map[], role.acls)
  {
    hide DistinctKeys, HeldByRole, PutTexts, PutEntries, PlannedGroup, SettledClient, MembersOf, Names, HeldByGroup, NameSet;
  }

  lemma RolesVerified(before: Database, desired: Document, after: Database, actual: Document)
    requires ValidDocument(desired) && Reached(before, desired, after) && Represents(actual, after)
    ensures RolesAgree(desired.roles, actual.roles) <==> forall r :: r in desired.roles ==> DistinctKeys(r.acls)
  {
    hide ValidDocument, Reached, DistinctKeys, DistinctRefs, RoleAgrees, RoleOf, PutEntries, GroupsMatch, ClientsMatch, Distinct,
         NameSet, RolesByName, Names, RoleNames, ValidEntries;
    ValidNamesAndRefs(desired);
    ReadBack(actual, after);
    ReachedNames(before, desired, after);
    Named(desired);
    forall r | r in desired.roles
      ensures RoleAgrees(RolesByName(actual.roles)[r.name], r) <==> DistinctKeys(r.acls)
    {
      var found := RolesByName(actual.roles)[r.name];
      if DistinctKeys(r.acls) {
        RoleReadBack(before, desired, after, found, r);
      }
      RoleVerified(after, found, r);
    }
  }

  /* The group of the anonymous clients is not to be cleared, or it is deleted. */
  predicate KeepsAnonymous(before: Database, doc: Document) {
    doc.anonymous == "" && before.anonymous != "" ==> before.anonymous !in NameSet(GroupNames(doc.groups))
  }

  /* After the plan, whatever document is read back, the comparison with the desired one finds
     nothing exactly when the desired document lists nothing twice, no client it creates is
     disabled, and it does not clear the group of the anonymous clients while it keeps that group. */
  lemma PlanVerifiesExactly(before: Database, current: Document, desired: Document, actual: Document)
    requires Sound(before) && Represents(current, before)
    requires ValidDocument(desired) && Normalised(desired)
    requires Represents(actual, Run(before, PlanCommands(current, desired)))
    ensures Agree(desired, actual)
       <==> NoRepeats(desired) && NoneBornDisabled(before, desired) && KeepsAnonymous(before, desired)
  {
    hide Run, Sound, ValidDocument, Normalised, PlanCommands, Reached, ClientsAgree, GroupsAgree, RolesAgree,
         DistinctKeys, DistinctRefs, NoneBornDisabled, RolesMatch, GroupsMatch, ClientsMatch, KeepsAnonymous;
    var after := Run(before, PlanCommands(current, desired));
    PlanReaches(before, current, desired);
    ClientsVerified(before, desired, after, actual);
    GroupsVerified(before, desired, after, actual);
    RolesVerified(before, desired, after, actual);
    ReachedSettings(before, desired, after);
  }

  lemma ReachedSettings(before: Database, desired: Document, after: Database)
    requires Reached(before, desired, after)
    ensures after.defaults == desired.defaults
    ensures after.anonymous == desired.anonymous <==> KeepsAnonymous(before, desired)
  {
    hide NameSet, GroupNames;
  }

  /* The command that creates a client leaves it enabled, whatever was asked for. */
  lemma BornEnabled(db: Database, client: Client)
    requires client.name !in db.clients && Names(client.roles) <= db.roles.Keys
    ensures ClientCommands([], client)
         == [CreateClient(client.name, client.texts, client.clientId, client.password, client.roles)]
    ensures client.name in Run(db, ClientCommands([], client)).clients
    ensures !Run(db, ClientCommands([], client)).clients[client.name].disabled
  {
    hide PutRefs;
    RunOne(db, CreateClient(client.name, client.texts, client.clientId, client.password, client.roles));
  }

  // ---------------------------------------------------------------- what a plan does not send

  /* No role that a group or a client holds is wanted with another priority. */
  predicate SamePriorities(before: Database, doc: Document) {
    && (forall g :: g in doc.groups ==> KeepsPriorities(HeldByGroup(before, g.name).roles, g.roles))
    && (forall c :: c in doc.clients && c.name in before.clients ==> KeepsPriorities(before.clients[c.name].roles, c.roles))
  }

  predicate KeepsClient(before: Database, client: Client) {
    client.name in before.clients ==>
      && KeepsTexts(before.clients[client.name].texts, client.texts)
      && KeepsText(before.clients[client.name].clientId, client.clientId)
  }

  /* No text, client id or group of the anonymous clients that is held is to be cleared. */
  predicate NothingCleared(before: Database, doc: Document) {
    && (forall r :: r in doc.roles ==> KeepsTexts(HeldByRole(before, r.name), r.texts))
    && (forall g :: g in doc.groups ==> KeepsTexts(HeldByGroup(before, g.name).texts, g.texts))
    && (forall c :: c in doc.clients ==> KeepsClient(before, c))
    && KeepsAnonymous(before, doc)
  }

  lemma RolesFulfilled(before: Database, desired: Document, after: Database)
    requires Reached(before, desired, after)
    ensures RolesMatch(desired.roles, after)
       <==> forall r :: r in desired.roles ==> DistinctKeys(r.acls) && KeepsTexts(HeldByRole(before, r.name), r.texts)
  {
    hide DistinctKeys, PlannedGroup, SettledClient, MembersOf, Names, HeldByGroup, HeldByRole, PutTexts, KeepsTexts, PutEntries;
    forall r | r in desired.roles
      ensures PutTexts(HeldByRole(before, r.name), r.texts) == r.texts <==> KeepsTexts(HeldByRole(before, r.name), r.texts)
    {
      PutExactly(HeldByRole(before, r.name), r.texts);
    }
  }

  lemma GroupFulfilled(before: Database, desired: Document, after: Database, group: Group)
    requires Reached(before, desired, after) && group in desired.groups
    ensures GroupMatches(group, after)
       <==> && DistinctRefs(group.roles) && DistinctRefs(group.clients)
            && KeepsPriorities(HeldByGroup(before, group.name).roles, group.roles)
            && KeepsTexts(HeldByGroup(before, group.name).texts, group.texts)
  {
    hide DistinctKeys, PlannedRole, HeldByRole, SettledClient, DistinctRefs, MembersOf, Names, HeldByGroup, Merged, PutRefs,
         KeepsPriorities, PutTexts, KeepsTexts;
    MergedExactly(HeldByGroup(before, group.name).roles, group.roles);
    PutExactly(HeldByGroup(before, group.name).texts, group.texts);
  }

  lemma ClientFulfilled(before: Database, desired: Document, after: Database, client: Client)
    requires Reached(before, desired, after) && client in desired.clients
    ensures ClientHeld(client, after)
       <==> && DistinctRefs(client.roles) && (client.disabled ==> client.name in before.clients)
            && (client.name in before.clients ==> KeepsPriorities(before.clients[client.name].roles, client.roles))
            && KeepsClient(before, client)
  {
    hide DistinctKeys, PlannedRole, HeldByRole, PlannedGroup, DistinctRefs, MembersOf, Names, HeldByGroup, Merged, PutRefs,
         KeepsPriorities, PutTexts, KeepsTexts;
    if client.name in before.clients {
      MergedExactly(before.clients[client.name].roles, client.roles);
      PutExactly(before.clients[client.name].texts, client.texts);
    }
  }

  lemma GroupsFulfilled(before: Database, desired: Document, after: Database)
    requires Reached(before, desired, after)
    ensures GroupsMatch(desired.groups, after)
       <==> forall g :: g in desired.groups ==>
              && DistinctRefs(g.roles) && DistinctRefs(g.clients)
              && KeepsPriorities(HeldByGroup(before, g.name).roles, g.roles)
              && KeepsTexts(HeldByGroup(before, g.name).texts, g.texts)
  {
    hide Reached, DistinctRefs, KeepsPriorities, KeepsTexts, GroupMatches, HeldByGroup;
    ReachedNames(before, desired, after);
    forall g | g in desired.groups
      ensures GroupMatches(g, after)
         <==> && DistinctRefs(g.roles) && DistinctRefs(g.clients)
              && KeepsPriorities(HeldByGroup(before, g.name).roles, g.roles)
              && KeepsTexts(HeldByGroup(before, g.name).texts, g.texts)
    {
      GroupFulfilled(before, desired, after, g);
    }
  }

  lemma ClientsFulfilled(before: Database, desired: Document, after: Database)
    requires Reached(before, desired, after) && Normalised(desired)
    ensures ClientsMatch(desired.clients, after)
       <==> && NoneBornDisabled(before, desired)
            && (forall c :: c in desired.clients ==> DistinctRefs(c.roles) && KeepsClient(before, c))
            && (forall c :: c in desired.clients && c.name in before.clients ==>
                  KeepsPriorities(before.clients[c.name].roles, c.roles))
  {
    hide Reached, DistinctRefs, KeepsPriorities, KeepsClient, ClientHeld, GroupsOf, GroupsListing, Names;
    ReachedNames(before, desired, after);
    forall c | c in desired.clients
      ensures ClientHeld(c, after)
         <==> && DistinctRefs(c.roles) && (c.disabled ==> c.name in before.clients)
              && (c.name in before.clients ==> KeepsPriorities(before.clients[c.name].roles, c.roles))
              && KeepsClient(before, c)
      ensures DistinctRefs(c.groups) && Names(c.groups) == GroupsOf(after, c.name)
    {
      ClientFulfilled(before, desired, after, c);
      GroupsOfListed(before, desired, after, c.name);
    }
  }

  /* After the plan the database is what the desired document says of it, texts, priorities and
     disabled flags included, exactly when the document lists nothing twice, no held role changes
     its priority, no created client is disabled and nothing that is held is cleared. */
  lemma PlanFulfilsExactly(before: Database, current: Document, desired: Document)
    requires Sound(before) && Represents(current, before)
    requires ValidDocument(desired) && Normalised(desired)
    ensures Represents(desired, Run(before, PlanCommands(current, desired)))
       <==> && NoRepeats(desired) && SamePriorities(before, desired) && NoneBornDisabled(before, desired)
            && NothingCleared(before, desired)
  {
    hide Run, Sound, ValidDocument, Normalised, PlanCommands, Reached, NoneBornDisabled, DistinctKeys, DistinctRefs,
         RolesMatch, GroupsMatch, ClientsMatch, Distinct, KeepsPriorities, KeepsTexts, KeepsClient, KeepsAnonymous,
         HeldByGroup, HeldByRole;
    var after := Run(before, PlanCommands(current, desired));
    PlanReaches(before, current, desired);
    ValidNamesAndRefs(desired);
    RolesFulfilled(before, desired, after);
    GroupsFulfilled(before, desired, after);
    ClientsFulfilled(before, desired, after);
    ReachedSettings(before, desired, after);
  }
}
